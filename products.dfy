/** Product records and the pure meaning of the five store operations.
    A record is a map from field name to value; the store is an ordered
    sequence of records, as the `products` array of the server holds them. */
module Products {
  import opened Decimal

  /** A field value as parsed from a JSON body. The store compares only
      strings (against the id in the request path); every other JSON value
      (number, boolean, null, array, object) is opaque and kept as a token. */
  datatype Value = Str(s: string) | Other(token: nat)

  /** A record: field name to value. Request bodies have the same shape. */
  type Fields = map<string, Value>

  type Product = Fields

  /** Outcome of a lookup: the record, or not-found (the 404 answer). */
  datatype Result<T> = Ok(value: T) | NotFound

  const ID_KEY := "id"

  /** `p.id === id`: the record has an `id` field holding exactly that string.
      A missing field (undefined) or a non-string value never matches. */
  predicate HasId(p: Product, id: string) {
    ID_KEY in p && p[ID_KEY] == Str(id)
  }

  /** Strict equality on the `id` field: a record without `id`, or whose `id`
      is not a string, matches no id; a record matches at most one id. */
  lemma HasIdStrict(p: Product, id: string, other: string)
    ensures ID_KEY !in p ==> !HasId(p, id)
    ensures ID_KEY in p && p[ID_KEY].Other? ==> !HasId(p, id)
    ensures HasId(p, id) && HasId(p, other) ==> id == other
  {
  }

  /** `{ id: String(count + 1), ...body }`: the body is spread after the
      assigned id, so a body that carries `id` overrides it. */
  function NewRecord(count: nat, body: Fields): (r: Product)
    ensures r.Keys == body.Keys + {ID_KEY}
    ensures forall k :: k in body ==> r[k] == body[k]
    ensures ID_KEY !in body ==> r[ID_KEY] == Str(DecimalString(count + 1))
  {
    map[ID_KEY := Str(DecimalString(count + 1))] + body
  }

  /** `{ ...current, ...body }`: a shallow merge in which the body wins,
      including on `id`. */
  function Merge(current: Product, body: Fields): (r: Product)
    ensures r.Keys == current.Keys + body.Keys
    ensures forall k :: k in body ==> r[k] == body[k]
    ensures forall k :: k in current && k !in body ==> r[k] == current[k]
  {
    current + body
  }

  /** `findIndex`: the lowest index whose record has the id, or -1. */
  function FirstMatch(ps: seq<Product>, id: string): (k: int)
    ensures -1 <= k < |ps|
    ensures k >= 0 ==> HasId(ps[k], id)
    ensures forall j :: 0 <= j < |ps| && (k == -1 || j < k) ==> !HasId(ps[j], id)
  {
    if ps == [] then -1
    else if HasId(ps[0], id) then 0
    else
      var k := FirstMatch(ps[1..], id);
      if k == -1 then -1 else k + 1
  }

  /** `find`: the first record with the id, or not-found. */
  function Lookup(ps: seq<Product>, id: string): (r: Result<Product>)
    ensures r.NotFound? <==> forall i :: 0 <= i < |ps| ==> !HasId(ps[i], id)
    ensures r.Ok? ==> exists i :: 0 <= i < |ps| && ps[i] == r.value && HasId(r.value, id) &&
                                  forall j :: 0 <= j < i ==> !HasId(ps[j], id)
  {
    var k := FirstMatch(ps, id);
    if k == -1 then NotFound else Ok(ps[k])
  }

  /** `filter(p => p.id !== id)`: every record without the id, in order. */
  function Without(ps: seq<Product>, id: string): (r: seq<Product>)
    ensures forall p :: p in r ==> p in ps && !HasId(p, id)
    ensures |r| <= |ps|
  {
    if ps == [] then [] else (if HasId(ps[0], id) then [] else [ps[0]]) + Without(ps[1..], id)
  }

  /** The filter drops every copy of a record with the id and keeps every
      copy of every other record. */
  lemma {:induction false} WithoutCounts(ps: seq<Product>, id: string, p: Product)
    ensures multiset(Without(ps, id))[p] == if HasId(p, id) then 0 else multiset(ps)[p]
  {
    if ps != [] {
      var head := if HasId(ps[0], id) then [] else [ps[0]];
      WithoutCounts(ps[1..], id, p);
      assert ps == [ps[0]] + ps[1..];
      assert multiset(ps) == multiset{ps[0]} + multiset(ps[1..]);
      assert multiset(Without(ps, id)) == multiset(head) + multiset(Without(ps[1..], id));
    }
  }

  /** Filtering distributes over concatenation: relative order is kept. */
  lemma {:induction false} WithoutConcat(a: seq<Product>, b: seq<Product>, id: string)
    ensures Without(a + b, id) == Without(a, id) + Without(b, id)
  {
    if a == [] {
      assert a + b == b;
    } else {
      var head := if HasId(a[0], id) then [] else [a[0]];
      assert (a + b)[0] == a[0];
      assert (a + b)[1..] == a[1..] + b;
      assert Without(a + b, id) == head + Without(a[1..] + b, id);
      WithoutConcat(a[1..], b, id);
      assert head + (Without(a[1..], id) + Without(b, id)) == (head + Without(a[1..], id)) + Without(b, id);
    }
  }

  /** When nothing has the id, the filter keeps the whole sequence. */
  lemma {:induction false} WithoutNoMatch(ps: seq<Product>, id: string)
    requires forall i :: 0 <= i < |ps| ==> !HasId(ps[i], id)
    ensures Without(ps, id) == ps
  {
    if ps != [] {
      WithoutNoMatch(ps[1..], id);
    }
  }

  /** Deleting twice is deleting once. */
  lemma DeleteIdempotent(ps: seq<Product>, id: string)
    ensures Without(Without(ps, id), id) == Without(ps, id)
  {
    var once := Without(ps, id);
    forall i | 0 <= i < |once|
      ensures !HasId(once[i], id)
    {
      assert once[i] in once;
    }
    WithoutNoMatch(once, id);
  }

  /** After deleting an id, looking it up finds nothing. */
  lemma GetAfterDelete(ps: seq<Product>, id: string)
    ensures Lookup(Without(ps, id), id) == NotFound
  {
  }

  /** The state-changing requests, for reasoning about a run of them. */
  datatype Op = Create(body: Fields) | Update(id: string, body: Fields) | Delete(id: string)

  /** The store after one request, as the handlers compute it. */
  function Apply(ps: seq<Product>, op: Op): (r: seq<Product>)
    ensures op.Create? ==> |r| == |ps| + 1 && r[..|ps|] == ps
    ensures op.Update? ==> |r| == |ps|
    ensures op.Delete? ==> |r| <= |ps|
  {
    match op
    case Create(body) => ps + [NewRecord(|ps|, body)]
    case Update(id, body) =>
      var k := FirstMatch(ps, id);
      if k == -1 then ps else ps[k := Merge(ps[k], body)]
    case Delete(id) => Without(ps, id)
  }

  function Run(ps: seq<Product>, ops: seq<Op>): seq<Product>
    decreases |ops|
  {
    if ops == [] then ps else Run(Apply(ps, ops[0]), ops[1..])
  }

  /** A request that can neither drop a record nor set an `id` field. */
  predicate KeepsIds(op: Op) {
    match op
    case Create(body) => ID_KEY !in body
    case Update(_, body) => ID_KEY !in body
    case Delete(_) => false
  }

  function CreateCount(ops: seq<Op>): nat {
    if ops == [] then 0 else (if ops[0].Create? then 1 else 0) + CreateCount(ops[1..])
  }

  /** The record at position i carries id `String(i + 1)`. */
  predicate NumberedByPosition(ps: seq<Product>) {
    forall i :: 0 <= i < |ps| ==> ID_KEY in ps[i] && ps[i][ID_KEY] == Str(DecimalString(i + 1))
  }

  lemma ApplyKeepsNumbering(ps: seq<Product>, op: Op)
    requires NumberedByPosition(ps) && KeepsIds(op)
    ensures NumberedByPosition(Apply(ps, op))
  {
  }

  lemma {:induction false} RunKeepsNumbering(ps: seq<Product>, ops: seq<Op>)
    requires NumberedByPosition(ps)
    requires forall i :: 0 <= i < |ops| ==> KeepsIds(ops[i])
    ensures NumberedByPosition(Run(ps, ops))
    ensures |Run(ps, ops)| == |ps| + CreateCount(ops)
    decreases |ops|
  {
    if ops != [] {
      ApplyKeepsNumbering(ps, ops[0]);
      RunKeepsNumbering(Apply(ps, ops[0]), ops[1..]);
    }
  }

  /** Starting from an empty store, with no delete and no body that sets `id`,
      the k-th created record has id `String(k)` and no two ids are equal. */
  lemma UniqueIdsWithoutDeletes(ops: seq<Op>)
    requires forall i :: 0 <= i < |ops| ==> KeepsIds(ops[i])
    ensures |Run([], ops)| == CreateCount(ops)
    ensures NumberedByPosition(Run([], ops))
    ensures forall i, j :: 0 <= i < j < |Run([], ops)| ==> Run([], ops)[i][ID_KEY] != Run([], ops)[j][ID_KEY]
  {
    RunKeepsNumbering([], ops);
    var ps := Run([], ops);
    forall i, j | 0 <= i < j < |ps|
      ensures ps[i][ID_KEY] != ps[j][ID_KEY]
    {
      DecimalStringInjective(i + 1, j + 1);
    }
  }

  /** Create, create, delete "1", create: two records now carry id "2". */
  lemma DeleteThenCreateDuplicatesId()
    ensures var ps := Run([], [Create(map[]), Create(map[]), Delete("1"), Create(map[])]);
            |ps| == 2 && HasId(ps[0], "2") && HasId(ps[1], "2")
  {
    var ops := [Create(map[]), Create(map[]), Delete("1"), Create(map[])];
    assert DecimalString(1) == "1";
    assert DecimalString(2) == "2";
    var one: Product := map[ID_KEY := Str("1")];
    var two: Product := map[ID_KEY := Str("2")];
    assert NewRecord(0, map[]) == one by {
      assert NewRecord(0, map[]).Keys == {ID_KEY};
    }
    assert NewRecord(1, map[]) == two by {
      assert NewRecord(1, map[]).Keys == {ID_KEY};
    }
    var s1 := Apply([], ops[0]);
    assert s1 == [one];
    var s2 := Apply(s1, ops[1]);
    assert s2 == [one, two];
    var s3 := Apply(s2, ops[2]);
    assert Without([two], "1") == [two];
    assert s3 == [two];
    var s4 := Apply(s3, ops[3]);
    assert s4 == [two, two];
    assert ops[1..][1..][1..][1..] == [];
    calc {
      Run([], ops);
      Run(s1, ops[1..]);
      Run(s2, ops[1..][1..]);
      Run(s3, ops[1..][1..][1..]);
      Run(s4, []);
    }
  }

  /** A body that supplies `id` overrides the assigned one, so two creates
      with the same body id yield two records with that id. */
  lemma BodyIdDuplicatesId(v: Value)
    ensures var ps := Run([], [Create(map[ID_KEY := v]), Create(map[ID_KEY := v])]);
            |ps| == 2 && ID_KEY in ps[0] && ID_KEY in ps[1] && ps[0][ID_KEY] == v && ps[1][ID_KEY] == v
  {
    var ops := [Create(map[ID_KEY := v]), Create(map[ID_KEY := v])];
    var s1 := Apply([], ops[0]);
    var s2 := Apply(s1, ops[1]);
    assert ops[1..][1..] == [];
    calc {
      Run([], ops);
      Run(s1, ops[1..]);
      Run(s2, []);
    }
  }
}
