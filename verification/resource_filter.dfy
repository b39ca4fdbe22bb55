/** `Resources.filterResource`: projection of a resource's JSON content onto a
    list of field pointers. Each pointer that resolves contributes one member,
    keyed by the pointer's last token; the root pointer copies every member of
    the content. The result is a fresh insertion-ordered map. */
module ResourceFilter {
  import opened Wrappers
  import opened Json
  import opened JsonPointer

  /** The root pointer asks for the content's members, and `asMap()` of a
      non-empty array throws. */
  datatype FilterError = RootOfNonObject

  /** One filter field applied to the map built so far. */
  function Collect(content: Json, acc: seq<Field>, field: Pointer): (r: Result<seq<Field>, FilterError>)
    ensures r.Err? <==> |field| == 0 && !content.Obj?
  {
    if |field| == 0 then
      if content.Obj? then Ok(PutAll(acc, content.fields)) else Err(RootOfNonObject)
    else
      match Get(content, field)
      case None => Ok(acc)
      case Some(v) => Ok(Put(acc, field[|field| - 1], v))
  }

  /** The filter fields applied in order; the first error ends the walk. */
  function CollectAll(content: Json, acc: seq<Field>, fields: seq<Pointer>): (r: Result<seq<Field>, FilterError>)
    decreases |fields|
  {
    if |fields| == 0 then Ok(acc)
    else
      match Collect(content, acc, fields[0])
      case Err(e) => Err(e)
      case Ok(next) => CollectAll(content, next, fields[1..])
  }

  /** Content that nothing is filtered out of: no fields asked for, a null
      resource, or one with no members. */
  predicate Unfiltered(content: Json, fields: seq<Pointer>)
  {
    |fields| == 0 || content.Null? || Size(content) == 0
  }

  function FilterResource(content: Json, fields: seq<Pointer>): (r: Result<Json, FilterError>)
    ensures Unfiltered(content, fields) ==> r == Ok(content)
    ensures !Unfiltered(content, fields) && r.Ok? ==> r.value.Obj?
  {
    if Unfiltered(content, fields) then Ok(content)
    else
      match CollectAll(content, [], fields)
      case Err(e) => Err(e)
      case Ok(members) => Ok(Obj(members))
  }

  /** A content whose top-level members have distinct keys, as every Java map's do. */
  predicate WellFormed(content: Json)
  {
    content.Obj? ==> UniqueKeys(content.fields)
  }

  // ---------------------------------------------------------------------------
  // Reference semantics: for each key, the last field that writes it decides.
  // ---------------------------------------------------------------------------

  /** What one field writes under `k`, if anything. */
  function Writes(content: Json, field: Pointer, k: string): Option<Json>
  {
    if |field| == 0 then (if content.Obj? then Lookup(content.fields, k) else None)
    else if field[|field| - 1] == k then Get(content, field)
    else None
  }

  /** The value the filtered map holds under `k`: that of the last field that
      writes `k`, or none when no field does. */
  function Expected(content: Json, fields: seq<Pointer>, k: string): Option<Json>
    decreases |fields|
  {
    if |fields| == 0 then None
    else
      var w := Writes(content, fields[|fields| - 1], k);
      if w.Some? then w else Expected(content, fields[..|fields| - 1], k)
  }

  lemma {:induction false} CollectAllSnoc(content: Json, acc: seq<Field>, fields: seq<Pointer>, last: Pointer)
    ensures CollectAll(content, acc, fields + [last])
         == (match CollectAll(content, acc, fields)
             case Err(e) => Err(e)
             case Ok(members) => Collect(content, members, last))
    decreases |fields|
  {
    if |fields| == 0 {
      assert fields + [last] == [last];
      match Collect(content, acc, last)
      case Err(_) =>
      case Ok(next) => assert CollectAll(content, next, []) == Ok(next);
    } else {
      assert (fields + [last])[0] == fields[0] && (fields + [last])[1..] == fields[1..] + [last];
      match Collect(content, acc, fields[0])
      case Err(_) =>
      case Ok(next) => CollectAllSnoc(content, next, fields[1..], last);
    }
  }

  /** The filter fails exactly when the root pointer is asked of content that is
      not an object. */
  lemma {:induction false} CollectAllFails(content: Json, acc: seq<Field>, fields: seq<Pointer>)
    ensures CollectAll(content, acc, fields).Err? <==> !content.Obj? && [] in fields
    decreases |fields|
  {
    if |fields| > 0 {
      assert [] in fields <==> fields[0] == [] || [] in fields[1..] by {
        assert fields == [fields[0]] + fields[1..];
      }
      var c := Collect(content, acc, fields[0]);
      if c.Ok? {
        CollectAllFails(content, c.value, fields[1..]);
      }
    }
  }

  /** The map built from `acc` holds, under every key, the value the last
      writing field gives it, or the old value when no field writes it. */
  lemma {:induction false} CollectAllLookup(content: Json, acc: seq<Field>, fields: seq<Pointer>, k: string)
    requires WellFormed(content)
    requires CollectAll(content, acc, fields).Ok?
    ensures var e := Expected(content, fields, k);
      Lookup(CollectAll(content, acc, fields).value, k) == (if e.Some? then e else Lookup(acc, k))
    decreases |fields|
  {
    if |fields| > 0 {
      var init := fields[..|fields| - 1];
      var last := fields[|fields| - 1];
      CollectAllLast(content, acc, fields);
      var before := CollectAll(content, acc, init);
      CollectAllLookup(content, acc, init, k);
      CollectLookup(content, before.value, last, k);
    }
  }

  /** A successful walk is the walk of all but the last field followed by the last. */
  lemma CollectAllLast(content: Json, acc: seq<Field>, fields: seq<Pointer>)
    requires |fields| > 0 && CollectAll(content, acc, fields).Ok?
    ensures var before := CollectAll(content, acc, fields[..|fields| - 1]);
      before.Ok? && CollectAll(content, acc, fields) == Collect(content, before.value, fields[|fields| - 1])
  {
    var init := fields[..|fields| - 1];
    var last := fields[|fields| - 1];
    SplitLast(fields);
    CollectAllSnoc(content, acc, init, last);
  }

  lemma SplitLast<T>(s: seq<T>)
    requires |s| > 0
    ensures s[..|s| - 1] + [s[|s| - 1]] == s
  {
  }

  /** One field overrides the keys it writes and leaves the others alone. */
  lemma CollectLookup(content: Json, acc: seq<Field>, field: Pointer, k: string)
    requires WellFormed(content)
    requires Collect(content, acc, field).Ok?
    ensures var w := Writes(content, field, k);
      Lookup(Collect(content, acc, field).value, k) == (if w.Some? then w else Lookup(acc, k))
  {
    if |field| == 0 {
      PutAllLookup(acc, content.fields, k);
    }
  }

  /** The map built from an accumulator with distinct keys has distinct keys. */
  lemma {:induction false} CollectAllKeepsKeysUnique(content: Json, acc: seq<Field>, fields: seq<Pointer>)
    requires UniqueKeys(acc)
    requires CollectAll(content, acc, fields).Ok?
    ensures UniqueKeys(CollectAll(content, acc, fields).value)
    decreases |fields|
  {
    if |fields| > 0 {
      var next := Collect(content, acc, fields[0]).value;
      if |fields[0]| == 0 {
        PutAllKeepsKeysUnique(acc, content.fields);
      } else if Get(content, fields[0]).Some? {
        PutKeepsKeysUnique(acc, fields[0][|fields[0]| - 1], Get(content, fields[0]).value);
      }
      CollectAllKeepsKeysUnique(content, next, fields[1..]);
    }
  }

  /** The filtered resource is an object whose members are exactly what the
      reference semantics says, under distinct keys; it fails only for the root
      pointer on a non-empty array. */
  lemma FilterMatchesReference(content: Json, fields: seq<Pointer>)
    requires WellFormed(content)
    requires !Unfiltered(content, fields)
    ensures FilterResource(content, fields).Err? <==> content.Arr? && [] in fields
    ensures FilterResource(content, fields).Ok? ==>
      var r := FilterResource(content, fields).value;
      r.Obj? && UniqueKeys(r.fields) && forall k :: Lookup(r.fields, k) == Expected(content, fields, k)
  {
    CollectAllFails(content, [], fields);
    var r := CollectAll(content, [], fields);
    if r.Ok? {
      CollectAllKeepsKeysUnique(content, [], fields);
      forall k
        ensures Lookup(r.value, k) == Expected(content, fields, k)
      {
        CollectAllLookup(content, [], fields, k);
      }
    }
  }

  // ---------------------------------------------------------------------------
  // Member order
  // ---------------------------------------------------------------------------

  /** The member one non-root field contributes: its leaf and the value it
      addresses, when it addresses one. */
  function HitOf(content: Json, f: Pointer): (h: seq<Field>)
    ensures |h| <= 1
  {
    if |f| > 0 && Get(content, f).Some? then [(f[|f| - 1], Get(content, f).value)] else []
  }

  /** The members the non-root fields contribute, in field order. */
  function Hits(content: Json, fields: seq<Pointer>): seq<Field>
    decreases |fields|
  {
    if |fields| == 0 then [] else HitOf(content, fields[0]) + Hits(content, fields[1..])
  }

  /** A non-root field whose hit has a fresh key appends that hit. */
  lemma CollectHit(content: Json, acc: seq<Field>, f: Pointer, tail: seq<Field>)
    requires |f| > 0
    requires UniqueKeys(acc + (HitOf(content, f) + tail))
    ensures Collect(content, acc, f) == Ok(acc + HitOf(content, f))
  {
    var here := HitOf(content, f);
    if |here| > 0 {
      FreshKeyAppends(acc, here + tail);
      assert (here + tail)[0] == here[0];
      assert here == [here[0]];
    } else {
      assert acc + here == acc;
    }
  }

  lemma {:induction false} CollectAllAppendsHits(content: Json, acc: seq<Field>, fields: seq<Pointer>)
    requires [] !in fields
    requires UniqueKeys(acc + Hits(content, fields))
    ensures CollectAll(content, acc, fields) == Ok(acc + Hits(content, fields))
    decreases |fields|
  {
    if |fields| == 0 {
      assert acc + [] == acc;
    } else {
      var f := fields[0];
      assert f in fields;
      assert fields == [f] + fields[1..];
      var here := HitOf(content, f);
      var rest := Hits(content, fields[1..]);
      assert (acc + here) + rest == acc + (here + rest);
      CollectHit(content, acc, f, rest);
      CollectAllAppendsHits(content, acc + here, fields[1..]);
    }
  }

  /** When the fields are plain pointers whose hits land on distinct keys, the
      result lists the hits in the order the fields were given. */
  lemma FilterKeepsFieldOrder(content: Json, fields: seq<Pointer>)
    requires !Unfiltered(content, fields)
    requires [] !in fields
    requires UniqueKeys(Hits(content, fields))
    ensures FilterResource(content, fields) == Ok(Obj(Hits(content, fields)))
  {
    assert [] + Hits(content, fields) == Hits(content, fields);
    CollectAllAppendsHits(content, [], fields);
  }

  // ---------------------------------------------------------------------------
  // Cases of the filter test table
  // ---------------------------------------------------------------------------

  /** The root pointer returns an object's members as they are. */
  lemma RootPointerKeepsObject(fields: seq<Field>)
    requires UniqueKeys(fields) && |fields| > 0
    ensures FilterResource(Obj(fields), [Parse("/")]) == Ok(Obj(fields))
  {
    assert Split("/") == ["", ""];
    assert Parse("/") == [];
    PutAllFreshAppends([], fields);
    assert [] + fields == fields;
  }

  /** `/a/b` then `/a` on `{a: {b: 1, c: 2}, d: 3}` gives `{b: 1, a: {b: 1, c: 2}}`. */
  lemma NestedThenParent()
    ensures var inner := Obj([("b", Str("1")), ("c", Str("2"))]);
      FilterResource(Obj([("a", inner), ("d", Str("3"))]), [["a", "b"], ["a"]])
      == Ok(Obj([("b", Str("1")), ("a", inner)]))
  {
    var inner := Obj([("b", Str("1")), ("c", Str("2"))]);
    var content := Obj([("a", inner), ("d", Str("3"))]);
    assert Lookup(content.fields, "a") == Some(inner);
    assert Lookup(inner.fields, "b") == Some(Str("1"));
    var fields: seq<Pointer> := [["a", "b"], ["a"]];
    assert Get(content, ["a", "b"]) == Some(Str("1")) by {
      assert Child(content, "a") == Some(inner);
      assert Child(inner, "b") == Some(Str("1"));
    }
    assert Get(content, ["a"]) == Some(inner) by {
      assert Child(content, "a") == Some(inner);
    }
    var hits := [("b", Str("1")), ("a", inner)];
    assert Hits(content, fields[1..]) == [("a", inner)] by {
      assert fields[1..][1..] == [];
    }
    assert Hits(content, fields) == hits;
    assert hits[0].0 != hits[1].0;
    FilterKeepsFieldOrder(content, fields);
  }

  /** A pointer through a scalar resolves to nothing: `/a/b` on `{a: 1, b: 2}` is `{}`. */
  lemma PathThroughScalar()
    ensures FilterResource(Obj([("a", Str("1")), ("b", Str("2"))]), [["a", "b"]]) == Ok(Obj([]))
  {
    var content := Obj([("a", Str("1")), ("b", Str("2"))]);
    assert Get(content, ["a", "b"]) == None;
    FilterKeepsFieldOrder(content, [["a", "b"]]);
  }
}
