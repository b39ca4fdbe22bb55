/** JSON values as the resource layer sees them. Objects keep their members in
    insertion order (they are `LinkedHashMap`s), which is why they are association
    lists here rather than Dafny maps. */
module Json {
  import opened Wrappers

  datatype Json =
    | Null
    | Bool(b: bool)
    | Num(n: int)
    | Str(s: string)
    | Arr(items: seq<Json>)
    | Obj(fields: seq<Field>)

  type Field = (string, Json)

  /** No key occurs twice, as in a Java map. */
  predicate UniqueKeys(fields: seq<Field>)
  {
    forall i, j :: 0 <= i < j < |fields| ==> fields[i].0 != fields[j].0
  }

  function Keys(fields: seq<Field>): (ks: seq<string>)
    ensures |ks| == |fields|
    ensures forall i :: 0 <= i < |fields| ==> ks[i] == fields[i].0
  {
    if |fields| == 0 then [] else [fields[0].0] + Keys(fields[1..])
  }

  /** The value stored under `k`, if any. */
  function Lookup(fields: seq<Field>, k: string): (r: Option<Json>)
    ensures r.None? <==> forall i :: 0 <= i < |fields| ==> fields[i].0 != k
    ensures r.Some? ==> exists i :: 0 <= i < |fields| && fields[i] == (k, r.value)
    ensures UniqueKeys(fields) ==> forall i :: 0 <= i < |fields| && fields[i].0 == k ==> r == Some(fields[i].1)
  {
    if |fields| == 0 then None
    else if fields[0].0 == k then Some(fields[0].1)
    else
      var r := Lookup(fields[1..], k);
      assert forall i :: 1 <= i < |fields| ==> fields[i] == fields[1..][i - 1];
      r
  }

  /** `Map.put`: a key already present keeps its position and takes the new value;
      a new key is appended. */
  function Put(fields: seq<Field>, k: string, v: Json): (r: seq<Field>)
    ensures forall k' :: Lookup(r, k') == if k' == k then Some(v) else Lookup(fields, k')
    ensures Lookup(fields, k).None? ==> r == fields + [(k, v)]
    ensures Lookup(fields, k).Some? ==> |r| == |fields| && forall i :: 0 <= i < |r| ==> r[i].0 == fields[i].0
  {
    if |fields| == 0 then [(k, v)]
    else if fields[0].0 == k then [(k, v)] + fields[1..]
    else [fields[0]] + Put(fields[1..], k, v)
  }

  lemma PutKeepsKeysUnique(fields: seq<Field>, k: string, v: Json)
    requires UniqueKeys(fields)
    ensures UniqueKeys(Put(fields, k, v))
  {
    var r := Put(fields, k, v);
    if Lookup(fields, k).None? {
      assert r == fields + [(k, v)];
      forall i, j | 0 <= i < j < |r|
        ensures r[i].0 != r[j].0
      {
        if j == |fields| {
          assert r[i] == fields[i];
        }
      }
    }
  }

  /** `Map.putAll`: the members of `others`, in order, put into `fields`. */
  function PutAll(fields: seq<Field>, others: seq<Field>): (r: seq<Field>)
    decreases |others|
  {
    if |others| == 0 then fields else PutAll(Put(fields, others[0].0, others[0].1), others[1..])
  }

  /** After `putAll`, a key maps to its value in `others` when it has one there,
      and keeps its old value otherwise. */
  lemma {:induction false} PutAllLookup(fields: seq<Field>, others: seq<Field>, k: string)
    requires UniqueKeys(others)
    ensures Lookup(PutAll(fields, others), k)
         == (if Lookup(others, k).Some? then Lookup(others, k) else Lookup(fields, k))
    decreases |others|
  {
    if |others| > 0 {
      var (k0, v0) := others[0];
      assert UniqueKeys(others[1..]) by {
        forall i, j | 0 <= i < j < |others| - 1
          ensures others[1..][i].0 != others[1..][j].0
        {
          assert others[1..][i] == others[i + 1] && others[1..][j] == others[j + 1];
        }
      }
      PutAllLookup(Put(fields, k0, v0), others[1..], k);
      if k != k0 {
        assert Lookup(others, k) == Lookup(others[1..], k);
      } else {
        assert Lookup(others[1..], k).None? by {
          forall i | 0 <= i < |others| - 1
            ensures others[1..][i].0 != k
          {
            assert others[1..][i] == others[i + 1];
          }
        }
      }
    }
  }

  lemma {:induction false} PutAllKeepsKeysUnique(fields: seq<Field>, others: seq<Field>)
    requires UniqueKeys(fields)
    ensures UniqueKeys(PutAll(fields, others))
    decreases |others|
  {
    if |others| > 0 {
      PutKeepsKeysUnique(fields, others[0].0, others[0].1);
      PutAllKeepsKeysUnique(Put(fields, others[0].0, others[0].1), others[1..]);
    }
  }

  /** Putting members with fresh, distinct keys appends them in order. */
  lemma {:induction false} PutAllFreshAppends(fields: seq<Field>, others: seq<Field>)
    requires UniqueKeys(fields + others)
    ensures PutAll(fields, others) == fields + others
    decreases |others|
  {
    if |others| > 0 {
      var next := fields + [others[0]];
      var rest := others[1..];
      assert Put(fields, others[0].0, others[0].1) == next by {
        FreshKeyAppends(fields, others);
      }
      assert next + rest == fields + others by {
        ShiftHead(fields, others);
      }
      assert PutAll(next, rest) == next + rest by {
        PutAllFreshAppends(next, rest);
      }
    }
  }

  lemma ShiftHead<T>(a: seq<T>, b: seq<T>)
    requires |b| > 0
    ensures (a + [b[0]]) + b[1..] == a + b
  {
    assert b == [b[0]] + b[1..];
  }

  lemma FreshKeyAppends(fields: seq<Field>, others: seq<Field>)
    requires |others| > 0 && UniqueKeys(fields + others)
    ensures Put(fields, others[0].0, others[0].1) == fields + [others[0]]
  {
    var all := fields + others;
    forall i | 0 <= i < |fields|
      ensures fields[i].0 != others[0].0
    {
      assert all[i] == fields[i] && all[|fields|] == others[0];
    }
  }

  /** `JsonValue.size()`: members of an object, elements of an array, otherwise 0. */
  function Size(j: Json): nat
  {
    match j
    case Obj(fields) => |fields|
    case Arr(items) => |items|
    case _ => 0
  }
}
